/**
 * The switcher's handlers, on the objects they mutate: each loads the list afresh, changes
 * it in place, saves it, and puts the other copy back when the daemon does not answer;
 * while it waits for that answer, other handlers run.
 */
module ClientHandlers {
  import opened Options
  import opened Text
  import opened ClientIds
  import opened SavedClients

  class ClientProfile {
    var id: string
    var caption: string
    var address: string
    var token: string

    constructor (p: Profile)
      ensures Value() == p
    {
      id, caption, address, token := p.id, p.caption, p.address, p.token;
    }

    function Value(): Profile
      reads this
    {
      Profile(id, caption, address, token)
    }
  }

  function Values(clients: seq<ClientProfile>): (r: seq<Profile>)
    reads clients
    ensures |r| == |clients|
    ensures forall i :: 0 <= i < |r| ==> r[i] == clients[i].Value()
  {
    seq(|clients|, i reads clients requires 0 <= i < |clients| => clients[i].Value())
  }

  class ClientsFile {
    var activeId: Option<string>
    var clients: seq<ClientProfile>

    constructor ()
      ensures activeId == None && clients == []
    {
      activeId, clients := None, [];
    }

    /** No two entries are one object. */
    ghost predicate Valid()
      reads this
    {
      forall i, j :: 0 <= i < j < |clients| ==> clients[i] != clients[j]
    }

    function Value(): FileValue
      reads this, clients
    {
      FileValue(activeId, Values(clients))
    }

    method FindId(id: string) returns (k: nat)
      ensures k == IndexOfId(Values(clients), id)
    {
      k := 0;
      while k < |clients| && clients[k].id != id
        invariant k <= |clients|
        invariant forall i :: 0 <= i < k ==> clients[i].id != id
      {
        k := k + 1;
      }
      FirstId(Values(clients), id, k);
    }

    method FindAddress(address: string) returns (k: nat)
      ensures k == IndexOfAddress(Values(clients), address)
    {
      k := 0;
      while k < |clients| && clients[k].address != address
        invariant k <= |clients|
        invariant forall i :: 0 <= i < k ==> clients[i].address != address
      {
        k := k + 1;
      }
      FirstAddress(Values(clients), address, k);
    }

    /** Writes into one entry: the object itself changes, the list keeps it. */
    method WriteEntry(k: nat, caption: string, token: string)
      requires Valid() && k < |clients|
      modifies clients
      ensures Valid() && activeId == old(activeId)
      ensures Values(clients) == old(Values(clients))[k := old(Values(clients))[k].(caption := caption, token := token)]
    {
      var entry := clients[k];
      entry.caption := caption;
      entry.token := token;
    }

    method Select(choice: Option<string>)
      modifies this`activeId
      ensures activeId == choice && Value() == old(Value()).(activeId := choice)
    {
      activeId := choice;
    }

    method Push(p: Profile) returns (added: ClientProfile)
      requires Valid()
      modifies this`clients
      ensures Valid() && fresh(added) && clients == old(clients) + [added]
      ensures Values(clients) == old(Values(clients)) + [p]
    {
      added := new ClientProfile(p);
      clients := clients + [added];
    }

    /** Keeps the entries with another id, in order. */
    method DropId(id: string)
      requires Valid()
      modifies this`clients
      ensures Values(clients) == WithoutId(old(Values(clients)), id)
    {
      hide WithoutId;
      ghost var before := Values(clients);
      NothingWithoutId(before, id);
      var rest: seq<ClientProfile> := [];
      var i := 0;
      while i < |clients|
        invariant 0 <= i <= |clients| && clients == old(clients) && |before| == |clients|
        invariant Values(rest) == WithoutId(before[..i], id)
      {
        WithoutIdStep(before, id, i);
        if clients[i].id != id {
          ValuesOfOneMore(rest, clients[i]);
          rest := rest + [clients[i]];
        }
        i := i + 1;
      }
      assert before[..i] == before;
      clients := rest;
    }

    /** Adds or updates in place, by address. */
    method UpsertClient(caption: Option<string>, address: string, token: string) returns (id: string)
      requires Valid()
      modifies this`clients, clients
      ensures Valid()
      ensures (Values(clients), id) == Upsert(old(Values(clients)), caption, address, token)
    {
      hide JsTrim, ClientIdFrom, FreshId, IndexOfAddress, Caption;
      var trimmedAddress, trimmedToken := JsTrim(address), JsTrim(token);
      var k := FindAddress(trimmedAddress);
      if k < |clients| {
        id := clients[k].id;
        WriteEntry(k, Caption(caption, clients[k].caption), trimmedToken);
      } else {
        var shown := Caption(caption, trimmedAddress);
        var search, _ := SearchFreshId(Ids(Values(clients)), ClientIdFrom(shown));
        id := search;
        var _ := Push(Profile(id, shown, trimmedAddress, trimmedToken));
      }
    }
  }

  lemma ValuesOfOneMore(clients: seq<ClientProfile>, more: ClientProfile)
    ensures Values(clients + [more]) == Values(clients) + [more.Value()]
  {
  }

  lemma NothingWithoutId(clients: seq<Profile>, id: string)
    ensures WithoutId(clients[..0], id) == []
  {
  }

  lemma WithoutIdStep(clients: seq<Profile>, id: string, i: nat)
    requires i < |clients|
    ensures WithoutId(clients[..i + 1], id)
         == WithoutId(clients[..i], id) + if clients[i].id != id then [clients[i]] else []
  {
    assert clients[..i + 1][..i] == clients[..i];
  }

  lemma FirstId(clients: seq<Profile>, id: string, k: nat)
    requires k <= |clients| && (k < |clients| ==> clients[k].id == id)
    requires forall i :: 0 <= i < k ==> clients[i].id != id
    ensures k == IndexOfId(clients, id)
  {
  }

  lemma FirstAddress(clients: seq<Profile>, address: string, k: nat)
    requires k <= |clients| && (k < |clients| ==> clients[k].address == address)
    requires forall i :: 0 <= i < k ==> clients[i].address != address
    ensures k == IndexOfAddress(clients, address)
  {
  }

  lemma SwitchOutcome(d: DiskState, id: string, answers: bool)
    ensures var v, after := ParseClients(d), Handle(d, Activate(Some(id), answers), false);
            if IndexOfId(v.clients, id) == |v.clients| then after == d
            else after == Saved(if answers then v.(activeId := Some(id)) else v)
  {
    hide ParseClients, Saved, IndexOfId;
  }

  lemma AddOutcome(d: DiskState, caption: Option<string>, address: string, token: string, answers: bool)
    requires JsTrim(address) != "" && JsTrim(token) != ""
    ensures var v, after := ParseClients(d), Handle(d, Add(caption, address, token, answers), false);
            var (clients, id) := Upsert(v.clients, caption, address, token);
            after == Saved(if answers then FileValue(Some(id), clients) else v)
  {
    hide ParseClients, Saved, JsTrim, Upsert;
  }

  /**
   * What a switch saves, and what it may write back, is consistent if the disk was; writing
   * back changes nothing loaded.
   */
  lemma SwitchSaves(d: DiskState, id: string)
    ensures var v := ParseClients(d);
            && ParseClients(Saved(v)) == v
            && (Consistent(d) ==> Consistent(Saved(v)))
            && (Consistent(d) && IndexOfId(v.clients, id) < |v.clients| ==> Consistent(Saved(v.(activeId := Some(id)))))
  {
    hide ParseClients, Saved, IndexOfId, Sound;
    LoadedIsSound(d);
    LoadAfterSave(ParseClients(d));
    if Consistent(d) {
      SavedIsConsistent(ParseClients(d));
      if IndexOfId(ParseClients(d).clients, id) < |ParseClients(d).clients| {
        IntendedIsSound(ParseClients(d), Activate(Some(id), true), false);
        SavedIsConsistent(ParseClients(d).(activeId := Some(id)));
      }
    }
  }

  lemma AddSaves(d: DiskState, caption: Option<string>, address: string, token: string)
    requires JsTrim(address) != "" && JsTrim(token) != ""
    ensures var v := ParseClients(d);
            var (clients, id) := Upsert(v.clients, caption, address, token);
            && ParseClients(Saved(v)) == v
            && (Consistent(d) ==> Consistent(Saved(v)) && Consistent(Saved(FileValue(Some(id), clients))))
  {
    hide ParseClients, Saved, JsTrim, Upsert, Sound;
    var v := ParseClients(d);
    LoadedIsSound(d);
    LoadAfterSave(v);
    if Consistent(d) {
      SavedIsConsistent(v);
      IntendedIsSound(v, Add(caption, address, token, true), false);
      SavedIsConsistent(Intended(v, Add(caption, address, token, true), false).value);
    }
  }

  lemma ClearIsActivatingNone(d: DiskState)
    ensures Handle(d, Activate(None, true), false) == Handle(d, Activate(None, false), false) == Handle(d, Clear, false)
  {
    hide ParseClients, Saved;
  }

  class Machine {
    var list: ListFile
    var mirror: MirrorFile

    constructor (disk: DiskState)
      ensures Disk() == disk
    {
      list, mirror := disk.list, disk.mirror;
    }

    function Disk(): DiskState
      reads this
    {
      DiskState(list, mirror)
    }

    /** Every load builds its own objects. */
    method LoadClients() returns (file: ClientsFile)
      ensures fresh(file) && file.Valid() && fresh(file.clients)
      ensures file.Value() == ParseClients(Disk())
    {
      hide ParseClients;
      var v := ParseClients(Disk());
      file := new ClientsFile();
      var i := 0;
      while i < |v.clients|
        invariant 0 <= i <= |v.clients|
        invariant fresh(file) && file.Valid() && fresh(file.clients)
        invariant Values(file.clients) == v.clients[..i]
      {
        var _ := file.Push(v.clients[i]);
        assert v.clients[..i + 1] == v.clients[..i] + [v.clients[i]];
        i := i + 1;
      }
      file.activeId := v.activeId;
      assert v.clients[..i] == v.clients;
    }

    /** The list first; then the mirror of the entry it selects, or no mirror. */
    method SaveClients(file: ClientsFile)
      modifies this
      ensures Disk() == Saved(file.Value())
    {
      hide IndexOfId;
      list := Listed(file.Value());
      var k := |file.clients|;
      if file.activeId.Some? {
        k := file.FindId(file.activeId.value);
      }
      if k < |file.clients| {
        mirror := Mirror(file.clients[k].address, file.clients[k].token);
      } else {
        mirror := NoMirror;
      }
    }

    /** The wait for the daemon: unless nobody else is there, other handlers run to their end. */
    method Await(alone: bool)
      modifies this
      ensures alone ==> Disk() == old(Disk())
      ensures old(Consistent(Disk())) ==> Consistent(Disk())
    {
      hide Consistent, Handle;
      if alone {
        return;
      }
      var others: nat := *;
      while others > 0
        invariant old(Consistent(Disk())) ==> Consistent(Disk())
      {
        var op: Op, env: bool := *, *;
        if Consistent(Disk()) {
          HandleKeepsConsistent(Disk(), op, env);
        }
        var after := Handle(Disk(), op, env);
        list, mirror := after.list, after.mirror;
        others := others - 1;
      }
    }

    /**
     * Points the machine at `next`, and back at `previous` unless the daemon answers; what
     * others wrote meanwhile stays when it does, and is overwritten when it does not.
     */
    method ActivateClients(next: ClientsFile, previous: ClientsFile, answers: bool, alone: bool) returns (ok: bool)
      modifies this
      ensures ok == answers
      ensures !answers ==> Disk() == Saved(previous.Value())
      ensures answers && alone ==> Disk() == Saved(next.Value())
      ensures Consistent(Saved(next.Value())) && Consistent(Saved(previous.Value())) ==> Consistent(Disk())
    {
      hide Consistent, Saved;
      SaveClients(next);
      Await(alone);
      if !answers {
        SaveClients(previous);
      }
      ok := answers;
    }

    /** `clients:add`, and `archcar:remote-set` when there is no caption. */
    method HandleAdd(caption: Option<string>, address: string, token: string, answers: bool, env: bool, alone: bool)
      returns (ok: bool)
      modifies this
      ensures alone ==> Disk() == Handle(old(Disk()), Add(caption, address, token, answers), env)
      ensures !ok ==> ParseClients(Disk()) == ParseClients(old(Disk()))
      ensures old(Consistent(Disk())) ==> Consistent(Disk())
    {
      hide Consistent, ParseClients, Saved, JsTrim, Upsert, Values;
      if JsTrim(address) == "" || JsTrim(token) == "" || env {
        return false;
      }
      ok := AddAndSwitch(caption, address, token, answers, alone);
    }

    method AddAndSwitch(caption: Option<string>, address: string, token: string, answers: bool, alone: bool)
      returns (ok: bool)
      requires JsTrim(address) != "" && JsTrim(token) != ""
      modifies this
      ensures ok == answers
      ensures alone ==> Disk() == Handle(old(Disk()), Add(caption, address, token, answers), false)
      ensures !answers ==> ParseClients(Disk()) == ParseClients(old(Disk()))
      ensures old(Consistent(Disk())) ==> Consistent(Disk())
    {
      hide Consistent, ParseClients, Saved, JsTrim, Upsert, Values, Handle;
      AddOutcome(Disk(), caption, address, token, answers);
      AddSaves(Disk(), caption, address, token);
      ghost var v := ParseClients(Disk());
      var previous := LoadClients();
      var next := LoadClients();
      assert next.Value().clients == v.clients;
      var id := next.UpsertClient(caption, address, token);
      assert next.Value().clients == Upsert(v.clients, caption, address, token).0;
      assert previous.Value() == v;
      ok := Point(next, previous, id, answers, alone);
    }

    /** `clients:activate`, with no id for the local daemon. */
    method HandleActivate(choice: Option<string>, answers: bool, env: bool, alone: bool) returns (ok: bool)
      modifies this
      ensures alone ==> Disk() == Handle(old(Disk()), Activate(choice, answers), env)
      ensures !ok ==> ParseClients(Disk()) == ParseClients(old(Disk()))
      ensures old(Consistent(Disk())) ==> Consistent(Disk())
    {
      hide Consistent, ParseClients, Saved, Selected, IndexOfId, WithoutId, Upsert, JsTrim, Values;
      if env {
        return false;
      }
      if choice.None? {
        ClearIsActivatingNone(Disk());
        HandleClear();
        return true;
      }
      ok := SwitchTo(choice.value, answers, alone);
    }

    /** Selects a client of `next`, and puts that in place of what is on disk, or `previous` back. */
    method Point(next: ClientsFile, previous: ClientsFile, id: string, answers: bool, alone: bool) returns (ok: bool)
      requires next != previous && previous.Value() == ParseClients(Disk())
      modifies this, next`activeId
      ensures ok == answers
      ensures var v, v' := ParseClients(old(Disk())), old(next.Value()).(activeId := Some(id));
              && (alone ==> Disk() == Saved(if answers then v' else v))
              && (!answers ==> Disk() == Saved(v))
              && (Consistent(Saved(v)) && Consistent(Saved(v')) ==> Consistent(Disk()))
    {
      hide Consistent, ParseClients, Saved, Values;
      next.Select(Some(id));
      ok := ActivateClients(next, previous, answers, alone);
    }

    method SwitchTo(id: string, answers: bool, alone: bool) returns (ok: bool)
      modifies this
      ensures alone ==> Disk() == Handle(old(Disk()), Activate(Some(id), answers), false)
      ensures ok <==> answers && IndexOfId(ParseClients(old(Disk())).clients, id) < |ParseClients(old(Disk())).clients|
      ensures !ok ==> ParseClients(Disk()) == ParseClients(old(Disk()))
      ensures old(Consistent(Disk())) ==> Consistent(Disk())
    {
      hide Consistent, ParseClients, Saved, Selected, IndexOfId, WithoutId, Upsert, JsTrim, Values, Handle, Intended;
      ghost var v := ParseClients(Disk());
      SwitchOutcome(Disk(), id, answers);
      SwitchSaves(Disk(), id);
      var previous := LoadClients();
      var next := LoadClients();
      assert previous.Value() == v && next.Value() == v;
      var k := next.FindId(id);
      assert |next.clients| == |v.clients|;
      if k == |next.clients| {
        return false;
      }
      ok := Point(next, previous, id, answers, alone);
    }

    /** `clients:remove`. */
    method HandleRemove(id: string) returns (ok: bool)
      modifies this
      ensures Disk() == Handle(old(Disk()), Remove(id), false)
      ensures !ok ==> Disk() == old(Disk())
    {
      hide ParseClients, Saved, Selected, IndexOfId, WithoutId, Upsert, JsTrim, Values;
      var file := LoadClients();
      var k := file.FindId(id);
      if k == |file.clients| {
        return false;
      }
      file.DropId(id);
      if file.activeId == Some(id) {
        file.Select(None);
      }
      SaveClients(file);
      ok := true;
    }

    /** `clients:rename`. */
    method HandleRename(id: string, newCaption: string) returns (ok: bool)
      modifies this
      ensures Disk() == Handle(old(Disk()), Rename(id, newCaption), false)
      ensures !ok ==> Disk() == old(Disk())
    {
      hide ParseClients, Saved, Selected, IndexOfId, WithoutId, Upsert, JsTrim, Values;
      if JsTrim(newCaption) == "" {
        return false;
      }
      var file := LoadClients();
      var k := file.FindId(id);
      if k == |file.clients| {
        return false;
      }
      file.WriteEntry(k, JsTrim(newCaption), file.clients[k].token);
      SaveClients(file);
      ok := true;
    }

    /** `archcar:remote-clear`. */
    method HandleClear()
      modifies this
      ensures Disk() == Handle(old(Disk()), Clear, false)
      ensures old(Consistent(Disk())) ==> Consistent(Disk())
    {
      hide Consistent, ParseClients, Saved, Selected, IndexOfId, WithoutId, Upsert, JsTrim, Values;
      ghost var before := Disk();
      var file := LoadClients();
      file.Select(None);
      SaveClients(file);
      if Consistent(before) {
        HandleKeepsConsistent(before, Clear, false);
      }
    }
  }
}
