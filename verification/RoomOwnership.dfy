/**
  Many `ensure_room_auth_id` and `ensure_room_with_auth_id` calls interleaved, request by request, with other
  processes that create and delete rooms.
 */
module RoomOwnership {
  import opened Wrappers
  import opened Json
  import opened RoomMetadata
  import opened RoomHandler

  type CallId = nat

  datatype Phase =
    | ToList
    | ToUpdate(metadata: string, readAt: nat)
    | ToCreate
    | Finished(result: Outcome)

  datatype Call = Call(name: string, authId: string, mayCreate: bool, phase: Phase)

  /** Who wrote: a call of a tenant that updated the room, or somebody who created or deleted it. */
  datatype Writer = Tenant(authId: string) | Other

  /** `writes` lists, per room name, the updates, creations and deletions so far. */
  datatype State = State(rooms: Rooms, writes: map<string, seq<Writer>>, calls: map<CallId, Call>)

  datatype Action =
    | Start(id: CallId, name: string, authId: string, mayCreate: bool)
    | List(id: CallId, d: Delivery)
    | Update(id: CallId, d: Delivery)
    | Create(id: CallId, d: Delivery)
    | OthersCreate(name: string, metadata: string)
    | OthersDelete(name: string)

  const Init := State(map[], map[], map[])

  function Writes(s: State, name: string): seq<Writer> { if name in s.writes then s.writes[name] else [] }

  function Log(s: State, name: string, w: Writer): map<string, seq<Writer>> { s.writes[name := Writes(s, name) + [w]] }

  predicate InPhase(s: State, a: Action) {
    match a
    case Start(id, name, authId, mayCreate) => id !in s.calls
    case List(id, d) => id in s.calls && s.calls[id].phase.ToList?
    case Update(id, d) => id in s.calls && s.calls[id].phase.ToUpdate?
    case Create(id, d) => id in s.calls && s.calls[id].phase.ToCreate?
    case OthersCreate(name, metadata) => name !in s.rooms
    case OthersDelete(name) => name in s.rooms
  }

  /** Since the call read the room, only calls of its own tenant wrote to it. */
  predicate OnlyOwnWrites(s: State, c: Call)
    requires c.phase.ToUpdate?
  {
    var w := Writes(s, c.name);
    c.phase.readAt <= |w| && forall i :: c.phase.readAt <= i < |w| ==> w[i] == Tenant(c.authId)
  }

  /** No write of anybody else came between the call's read and its update. */
  predicate Unsplit(s: State, a: Action) {
    InPhase(s, a) && (a.Update? ==> OnlyOwnWrites(s, s.calls[a.id]))
  }

  function AfterList(num: NumberReader, s: State, c: Call, d: Delivery): Phase {
    if !d.Delivered? then Finished(Err(ConnectionFailed))
    else if c.name !in s.rooms then if c.mayCreate then ToCreate else Finished(Err(RoomNotFound))
    else if GetAuthId(num, s.rooms[c.name]) == Some(c.authId) then Finished(Ok(()))
    else match MergeAuthId(num, s.rooms[c.name], c.authId)
      case Err(e) => Finished(Err(MergeError(e)))
      case Ok(metadata) => ToUpdate(metadata, |Writes(s, c.name)|)
  }

  function Next(num: NumberReader, s: State, a: Action): State
    requires InPhase(s, a)
  {
    match a
    case Start(id, name, authId, mayCreate) => s.(calls := s.calls[id := Call(name, authId, mayCreate, ToList)])
    case List(id, d) =>
      var c := s.calls[id];
      s.(calls := s.calls[id := c.(phase := AfterList(num, s, c, d))])
    case Update(id, d) =>
      var c := s.calls[id];
      var (rooms, r) := UpdateEffect(s.rooms, c.name, c.phase.metadata, d);
      State(rooms, if d.RequestLost? || c.name !in s.rooms then s.writes else Log(s, c.name, Tenant(c.authId)),
            s.calls[id := c.(phase := Finished(r))])
    case Create(id, d) =>
      var c := s.calls[id];
      var (rooms, r) := CreateEffect(s.rooms, c.name, d);
      State(rooms, if d.RequestLost? || c.name in s.rooms then s.writes else Log(s, c.name, Other),
            s.calls[id := c.(phase := ToList, mayCreate := false)])
    case OthersCreate(name, metadata) => s.(rooms := s.rooms[name := metadata], writes := Log(s, name, Other))
    case OthersDelete(name) => s.(rooms := s.rooms - {name}, writes := Log(s, name, Other))
  }

  ghost predicate Legal(num: NumberReader, s: State, actions: seq<Action>)
    decreases |actions|
  {
    |actions| > 0 ==> InPhase(s, actions[0]) && Legal(num, Next(num, s, actions[0]), actions[1..])
  }

  ghost predicate LegalUnsplit(num: NumberReader, s: State, actions: seq<Action>)
    decreases |actions|
  {
    |actions| > 0 ==> Unsplit(s, actions[0]) && LegalUnsplit(num, Next(num, s, actions[0]), actions[1..])
  }

  ghost function Run(num: NumberReader, s: State, actions: seq<Action>): State
    requires Legal(num, s, actions)
    decreases |actions|
  {
    if |actions| == 0 then s else Run(num, Next(num, s, actions[0]), actions[1..])
  }

  lemma {:induction false} UnsplitIsLegal(num: NumberReader, s: State, actions: seq<Action>)
    requires LegalUnsplit(num, s, actions)
    ensures Legal(num, s, actions)
    decreases |actions|
  {
    if |actions| > 0 { UnsplitIsLegal(num, Next(num, s, actions[0]), actions[1..]); }
  }

  // ---- The invariant ----

  /** An update that is still unsplit writes the claim of what the room holds, or what the room already holds. */
  ghost predicate UpdateIsCurrent(num: NumberReader, s: State, c: Call) {
    c.phase.ToUpdate? ==>
      && c.phase.readAt <= |Writes(s, c.name)|
      && TenantOf(num, c.phase.metadata) == Some(c.authId)
      && (OnlyOwnWrites(s, c) ==> c.name in s.rooms && Claims(num, s.rooms[c.name], c))
  }

  ghost predicate Claims(num: NumberReader, room: string, c: Call)
    requires c.phase.ToUpdate?
  {
    || room == c.phase.metadata
    || (TenantOf(num, room).None? && MergeAuthId(num, room, c.authId) == Ok(c.phase.metadata))
  }

  ghost predicate Invariant(num: NumberReader, s: State) {
    forall id :: id in s.calls ==> UpdateIsCurrent(num, s, s.calls[id])
  }

  /** Whoever an action belongs to, it may only delete a room or keep what the room's metadata must keep. */
  ghost predicate StepKeeps(num: NumberReader, s: State, a: Action, s': State) {
    forall r :: r in s.rooms && a != OthersDelete(r) ==> r in s'.rooms && Survives(num, s.rooms[r], s'.rooms[r])
  }

  /** What one more write means for a call that was already waiting to write. */
  lemma LoggedWrite(s: State, c: Call, name: string, w: Writer, t: State)
    requires c.phase.ToUpdate? && t.writes == Log(s, name, w)
    ensures name != c.name ==> Writes(t, c.name) == Writes(s, c.name)
    ensures name == c.name && OnlyOwnWrites(t, c) && c.phase.readAt <= |Writes(s, c.name)| ==> OnlyOwnWrites(s, c) && w == Tenant(c.authId)
  {
    if name == c.name && OnlyOwnWrites(t, c) && c.phase.readAt <= |Writes(s, c.name)| {
      var before, after := Writes(s, c.name), Writes(t, c.name);
      assert after == before + [w] && after[|before|] == w;
      forall i | c.phase.readAt <= i < |before| ensures before[i] == Tenant(c.authId) { assert after[i] == before[i]; }
    }
  }

  /** Two calls of one tenant that both may write would write the same. */
  lemma SameClaim(num: NumberReader, room: string, c: Call, d: Call)
    requires c.phase.ToUpdate? && d.phase.ToUpdate? && c.authId == d.authId
    requires TenantOf(num, c.phase.metadata) == TenantOf(num, d.phase.metadata) == Some(c.authId)
    requires Claims(num, room, c) && Claims(num, room, d)
    ensures c.phase.metadata == d.phase.metadata
  {
  }

  lemma UpdateKeepsCurrent(num: NumberReader, s: State, id: CallId, d: Delivery, other: CallId)
    requires Invariant(num, s) && Unsplit(s, Update(id, d)) && other in s.calls && other != id
    ensures UpdateIsCurrent(num, Next(num, s, Update(id, d)), s.calls[other])
  {
    var s', c, e := Next(num, s, Update(id, d)), s.calls[other], s.calls[id];
    assert UpdateIsCurrent(num, s, c) && UpdateIsCurrent(num, s, e);
    if c.phase.ToUpdate? && !d.RequestLost? {
      LoggedWrite(s, c, e.name, Tenant(e.authId), s');
      if c.name == e.name && OnlyOwnWrites(s', c) { SameClaim(num, s.rooms[c.name], c, e); }
    }
  }

  lemma OtherStepKeepsCurrent(num: NumberReader, s: State, a: Action, other: CallId)
    requires PrintsReadable(num) && Invariant(num, s) && InPhase(s, a) && !a.Update?
    requires other in Next(num, s, a).calls
    ensures UpdateIsCurrent(num, Next(num, s, a), Next(num, s, a).calls[other])
  {
    var s' := Next(num, s, a);
    var c := s'.calls[other];
    if a == List(other, Delivered) && c.phase.ToUpdate? {
      MergeAuthIdSpec(num, s.rooms[c.name], c.authId);
    } else if c.phase.ToUpdate? {
      assert c == s.calls[other] && UpdateIsCurrent(num, s, c);
      match a
      case Create(id, d) =>
        if s'.writes != s.writes { LoggedWrite(s, c, s.calls[id].name, Other, s'); }
      case OthersCreate(name, metadata) => LoggedWrite(s, c, name, Other, s');
      case OthersDelete(name) => LoggedWrite(s, c, name, Other, s');
      case _ =>
    }
  }

  lemma StepInvariant(num: NumberReader, s: State, a: Action)
    requires PrintsReadable(num) && Invariant(num, s) && Unsplit(s, a)
    ensures Invariant(num, Next(num, s, a)) && StepKeeps(num, s, a, Next(num, s, a))
  {
    var s' := Next(num, s, a);
    if a.Update? {
      var c := s.calls[a.id];
      assert UpdateIsCurrent(num, s, c);
      if s.rooms[c.name] != c.phase.metadata { MergeSurvives(num, s.rooms[c.name], c.authId); }
    }
    forall id | id in s'.calls ensures UpdateIsCurrent(num, s', s'.calls[id]) {
      if !a.Update? {
        OtherStepKeepsCurrent(num, s, a, id);
      } else if id != a.id {
        UpdateKeepsCurrent(num, s, a.id, a.d, id);
      }
    }
  }

  /** A call that ends well ends in a state where the room carries its id. */
  lemma OkMeansOwned(num: NumberReader, s: State, a: Action, id: CallId)
    requires Invariant(num, s) && Unsplit(s, a)
    requires id in Next(num, s, a).calls && Next(num, s, a).calls[id].phase == Finished(Ok(()))
    requires id !in s.calls || s.calls[id].phase != Finished(Ok(()))
    ensures var s' := Next(num, s, a); var c := s'.calls[id];
      c.name in s'.rooms && TenantOf(num, s'.rooms[c.name]) == Some(c.authId)
  {
    if a.Update? { assert UpdateIsCurrent(num, s, s.calls[a.id]); }
  }

  /** A call that reads another tenant's id ends there with a conflict; it writes nothing. */
  lemma ConflictWithoutWriting(num: NumberReader, s: State, id: CallId, existing: string)
    requires PrintsReadable(num) && InPhase(s, List(id, Delivered))
    requires s.calls[id].name in s.rooms && TenantOf(num, s.rooms[s.calls[id].name]) == Some(existing)
    requires existing != s.calls[id].authId
    ensures var s' := Next(num, s, List(id, Delivered));
      && s'.rooms == s.rooms && s'.writes == s.writes
      && s'.calls[id].phase == Finished(Err(MetadataConflict(existing, s.calls[id].authId)))
  {
    MergeAuthIdSpec(num, s.rooms[s.calls[id].name], s.calls[id].authId);
  }

  /** A call that reads metadata which is neither blank nor an object ends there; it writes nothing. */
  lemma UnreadableIsRefused(num: NumberReader, s: State, id: CallId)
    requires InPhase(s, List(id, Delivered))
    requires s.calls[id].name in s.rooms && Unreadable(num, s.rooms[s.calls[id].name])
    ensures var s' := Next(num, s, List(id, Delivered));
      s'.rooms == s.rooms && s'.writes == s.writes && s'.calls[id].phase == Finished(Err(ConnectionFailed))
  {
    HelpersRead(num, s.rooms[s.calls[id].name]);
  }

  // ---- Whole runs ----

  ghost predicate NeverDeleted(name: string, actions: seq<Action>) { OthersDelete(name) !in actions }

  lemma {:induction false} RunKeeps(num: NumberReader, s: State, actions: seq<Action>, name: string)
    requires PrintsReadable(num) && Invariant(num, s) && LegalUnsplit(num, s, actions)
    requires name in s.rooms && NeverDeleted(name, actions)
    ensures Legal(num, s, actions)
    ensures var s' := Run(num, s, actions);
      Invariant(num, s') && name in s'.rooms && Survives(num, s.rooms[name], s'.rooms[name])
    decreases |actions|
  {
    UnsplitIsLegal(num, s, actions);
    if |actions| > 0 {
      var s1 := Next(num, s, actions[0]);
      assert OthersDelete(name) != actions[0];
      StepInvariant(num, s, actions[0]);
      RunKeeps(num, s1, actions[1..], name);
      SurvivesTransitive(num, s.rooms[name], s1.rooms[name], Run(num, s, actions).rooms[name]);
    }
  }

  lemma {:induction false} RunInvariant(num: NumberReader, s: State, actions: seq<Action>)
    requires PrintsReadable(num) && Invariant(num, s) && LegalUnsplit(num, s, actions)
    ensures Legal(num, s, actions) && Invariant(num, Run(num, s, actions))
    decreases |actions|
  {
    UnsplitIsLegal(num, s, actions);
    if |actions| > 0 {
      StepInvariant(num, s, actions[0]);
      RunInvariant(num, Next(num, s, actions[0]), actions[1..]);
    }
  }

  /**
    Ownership is for good: in every run in which nobody else's write to the room comes between a call's read and its
    update, metadata that names a tenant, or cannot be read, stays as it is, to the letter, while the room exists. Other
    metadata may be claimed once, and each other field then survives exactly if its numbers are fixed points of the reader.
   */
  lemma OwnershipNeverChanges(num: NumberReader, before: seq<Action>, after: seq<Action>, name: string)
    requires PrintsReadable(num) && LegalUnsplit(num, Init, before) && Legal(num, Init, before)
    requires LegalUnsplit(num, Run(num, Init, before), after) && Legal(num, Run(num, Init, before), after)
    requires name in Run(num, Init, before).rooms && NeverDeleted(name, after)
    ensures
      var old', new' := Run(num, Init, before), Run(num, Run(num, Init, before), after);
      && name in new'.rooms
      && (TenantOf(num, old'.rooms[name]).Some? || Unreadable(num, old'.rooms[name]) ==> new'.rooms[name] == old'.rooms[name])
      && (forall k :: k != AUTH_ID_KEY ==>
            (MetadataField(num, new'.rooms[name], k) == MetadataField(num, old'.rooms[name], k)
             <==> new'.rooms[name] == old'.rooms[name] || FixedField(num, MetadataField(num, old'.rooms[name], k))))
  {
    RunInvariant(num, Init, before);
    RunKeeps(num, Run(num, Init, before), after, name);
    forall k | k != AUTH_ID_KEY {
      SurvivingFields(num, Run(num, Init, before).rooms[name], Run(num, Run(num, Init, before), after).rooms[name], k);
    }
  }

  lemma StepOfOtherTenant(num: NumberReader, s: State, a: Action, id: CallId, owner: string)
    requires PrintsReadable(num) && Invariant(num, s) && Unsplit(s, a)
    requires id in Next(num, s, a).calls && (id in s.calls ==> s.calls[id].phase != Finished(Ok(())))
    requires var c := Next(num, s, a).calls[id];
      c.name in s.rooms && a != OthersDelete(c.name) && TenantOf(num, s.rooms[c.name]) == Some(owner) && owner != c.authId
    ensures Next(num, s, a).calls[id].phase != Finished(Ok(()))
  {
    StepInvariant(num, s, a);
    if Next(num, s, a).calls[id].phase == Finished(Ok(())) { OkMeansOwned(num, s, a, id); }
  }

  ghost predicate NotOk(s: State, id: CallId) { id in s.calls ==> s.calls[id].phase != Finished(Ok(())) }

  lemma {:induction false} CallsKeepTheirRoom(num: NumberReader, s: State, actions: seq<Action>, id: CallId)
    requires Legal(num, s, actions) && id in s.calls
    ensures var s' := Run(num, s, actions);
      id in s'.calls && s'.calls[id].name == s.calls[id].name && s'.calls[id].authId == s.calls[id].authId
    decreases |actions|
  {
    if |actions| > 0 { CallsKeepTheirRoom(num, Next(num, s, actions[0]), actions[1..], id); }
  }

  /** So, while a room of one tenant exists, no call of another tenant on it comes to a good end. */
  lemma {:induction false} OtherTenantsNeverSucceed(num: NumberReader, s: State, actions: seq<Action>, name: string,
      owner: string, id: CallId)
    requires PrintsReadable(num) && Invariant(num, s) && LegalUnsplit(num, s, actions) && Legal(num, s, actions)
    requires name in s.rooms && TenantOf(num, s.rooms[name]) == Some(owner) && NeverDeleted(name, actions)
    requires NotOk(s, id)
    requires id in Run(num, s, actions).calls
    requires Run(num, s, actions).calls[id].name == name && Run(num, s, actions).calls[id].authId != owner
    ensures NotOk(Run(num, s, actions), id)
    decreases |actions|
  {
    if |actions| > 0 {
      var a, s1 := actions[0], Next(num, s, actions[0]);
      assert a in actions;
      StepInvariant(num, s, a);
      if id in s1.calls {
        CallsKeepTheirRoom(num, s1, actions[1..], id);
        StepOfOtherTenant(num, s, a, id, owner);
      }
      OtherTenantsNeverSucceed(num, s1, actions[1..], name, owner, id);
    }
  }

  // ---- Exactly when a tenant loses its room ----

  /** In every run, split or not, a call writes metadata that carries its own id. */
  ghost predicate CarryOwnId(num: NumberReader, s: State) {
    forall id :: id in s.calls && s.calls[id].phase.ToUpdate? ==> TenantOf(num, s.calls[id].phase.metadata) == Some(s.calls[id].authId)
  }

  lemma StepCarriesOwnId(num: NumberReader, s: State, a: Action)
    requires PrintsReadable(num) && CarryOwnId(num, s) && InPhase(s, a)
    ensures CarryOwnId(num, Next(num, s, a))
  {
    if a.List? && s.calls[a.id].name in s.rooms { MergeAuthIdSpec(num, s.rooms[s.calls[a.id].name], s.calls[a.id].authId); }
  }

  /** The action is an update that reaches a room which by then is another tenant's. */
  ghost predicate Steals(num: NumberReader, s: State, a: Action, name: string) {
    && a.Update? && InPhase(s, a) && !a.d.RequestLost? && s.calls[a.id].name == name && name in s.rooms
    && TenantOf(num, s.rooms[name]).Some? && TenantOf(num, s.rooms[name]) != Some(s.calls[a.id].authId)
  }

  /** One step changes the tenant of a room that stays exactly when it is such an update. */
  lemma TenantChangesIff(num: NumberReader, s: State, a: Action, name: string)
    requires CarryOwnId(num, s) && InPhase(s, a)
    requires name in s.rooms && TenantOf(num, s.rooms[name]).Some? && a != OthersDelete(name)
    ensures var s' := Next(num, s, a);
      name in s'.rooms && (TenantOf(num, s'.rooms[name]) != TenantOf(num, s.rooms[name]) <==> Steals(num, s, a, name))
  {
  }

  ghost predicate NeverStolen(num: NumberReader, s: State, actions: seq<Action>, name: string)
    requires Legal(num, s, actions)
    decreases |actions|
  {
    |actions| > 0 ==> !Steals(num, s, actions[0], name) && NeverStolen(num, Next(num, s, actions[0]), actions[1..], name)
  }

  ghost predicate AlwaysOwnedBy(num: NumberReader, s: State, actions: seq<Action>, name: string, owner: string)
    requires Legal(num, s, actions)
    decreases |actions|
  {
    && name in s.rooms && TenantOf(num, s.rooms[name]) == Some(owner)
    && (|actions| > 0 ==> AlwaysOwnedBy(num, Next(num, s, actions[0]), actions[1..], name, owner))
  }

  /** Over any run at all, a tenant keeps its room throughout exactly when no update reaches the room as another's. */
  lemma {:induction false} TenantKeepsRoomIff(num: NumberReader, s: State, actions: seq<Action>, name: string, owner: string)
    requires PrintsReadable(num) && CarryOwnId(num, s) && Legal(num, s, actions) && NeverDeleted(name, actions)
    requires name in s.rooms && TenantOf(num, s.rooms[name]) == Some(owner)
    ensures AlwaysOwnedBy(num, s, actions, name, owner) <==> NeverStolen(num, s, actions, name)
    decreases |actions|
  {
    if |actions| > 0 {
      var a, s' := actions[0], Next(num, s, actions[0]);
      assert a in actions;
      TenantChangesIff(num, s, a, name);
      StepCarriesOwnId(num, s, a);
      if !Steals(num, s, a, name) {
        TenantKeepsRoomIff(num, s', actions[1..], name, owner);
      } else {
        assert !AlwaysOwnedBy(num, s', actions[1..], name, owner);
      }
    }
  }

  // ---- Why reads and updates must not be split ----

  /** Two calls that both read the room before either writes both succeed, and the first tenant loses it. */
  lemma SplitUpdatesOverwrite(num: NumberReader, name: string, first: string, second: string)
    requires PrintsReadable(num) && first != second
    ensures exists actions ::
      && Legal(num, Init, actions)
      && var s := Run(num, Init, actions);
         && s.calls.Keys == {1, 2} && s.calls[1].authId == first && s.calls[2].authId == second
         && s.calls[1].phase == Finished(Ok(())) && s.calls[2].phase == Finished(Ok(()))
         && name in s.rooms && TenantOf(num, s.rooms[name]) == Some(second)
  {
    var listings := BothRead(num, name, first, second);
    var s := Run(num, Init, listings);
    var updates := BothUpdate(num, s, name);
    RunSplits(num, Init, listings, updates);
    MergeAuthIdSpec(num, "", second);
    assert Legal(num, Init, listings + updates);
  }

  lemma BothRead(num: NumberReader, name: string, first: string, second: string) returns (actions: seq<Action>)
    requires PrintsReadable(num)
    ensures Legal(num, Init, actions)
    ensures var s := Run(num, Init, actions);
      && name in s.rooms
      && MergeAuthId(num, "", first).Ok? && MergeAuthId(num, "", second).Ok?
      && s.calls == map[1 := Call(name, first, false, ToUpdate(MergeAuthId(num, "", first).value, 1)),
                        2 := Call(name, second, false, ToUpdate(MergeAuthId(num, "", second).value, 1))]
  {
    EmptyMetadata(num);
    MergeAuthIdSpec(num, "", first);
    MergeAuthIdSpec(num, "", second);
    var a, b, c, d, e := OthersCreate(name, ""), Start(1, name, first, false), Start(2, name, second, false), List(1, Delivered), List(2, Delivered);
    var s1 := Next(num, Init, a);
    var s2 := Next(num, s1, b);
    var s3 := Next(num, s2, c);
    var s4 := Next(num, s3, d);
    Prepend(num, s4, e, []);
    Prepend(num, s3, d, [e] + []);
    Prepend(num, s2, c, [d] + ([e] + []));
    Prepend(num, s1, b, [c] + ([d] + ([e] + [])));
    Prepend(num, Init, a, [b] + ([c] + ([d] + ([e] + []))));
    actions := [a] + ([b] + ([c] + ([d] + ([e] + []))));
    assert Run(num, Init, actions) == Next(num, s4, e);
  }

  lemma BothUpdate(num: NumberReader, s: State, name: string) returns (actions: seq<Action>)
    requires name in s.rooms && s.calls.Keys == {1, 2}
    requires forall id :: id in s.calls ==> s.calls[id].name == name && s.calls[id].phase.ToUpdate?
    ensures Legal(num, s, actions)
    ensures var s' := Run(num, s, actions);
      && s'.calls == map[1 := s.calls[1].(phase := Finished(Ok(()))), 2 := s.calls[2].(phase := Finished(Ok(())))]
      && name in s'.rooms && s'.rooms[name] == s.calls[2].phase.metadata
  {
    var s1 := Next(num, s, Update(1, Delivered));
    Prepend(num, s1, Update(2, Delivered), []);
    Prepend(num, s, Update(1, Delivered), [Update(2, Delivered)] + []);
    actions := [Update(1, Delivered)] + ([Update(2, Delivered)] + []);
    assert Run(num, s, actions) == Next(num, s1, Update(2, Delivered));
  }

  lemma {:induction false} RunSplits(num: NumberReader, s: State, xs: seq<Action>, ys: seq<Action>)
    requires Legal(num, s, xs) && Legal(num, Run(num, s, xs), ys)
    ensures Legal(num, s, xs + ys) && Run(num, s, xs + ys) == Run(num, Run(num, s, xs), ys)
    decreases |xs|
  {
    if |xs| == 0 {
      assert xs + ys == ys;
    } else {
      assert (xs + ys)[1..] == xs[1..] + ys;
      RunSplits(num, Next(num, s, xs[0]), xs[1..], ys);
    }
  }

  lemma Prepend(num: NumberReader, s: State, a: Action, rest: seq<Action>)
    requires InPhase(s, a) && Legal(num, Next(num, s, a), rest)
    ensures Legal(num, s, [a] + rest) && Run(num, s, [a] + rest) == Run(num, Next(num, s, a), rest)
  {
    assert ([a] + rest)[1..] == rest;
  }
}
