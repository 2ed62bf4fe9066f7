/**
  `ensure_room_auth_id`, `ensure_room_with_auth_id` and `ensure_room_exists` of src/livekit/room_handler.rs
  against a room server that other processes share. The server is its map from room names to metadata; every
  request or response may be lost.
 */
module RoomHandler {
  import opened Wrappers
  import opened Json
  import opened RoomMetadata

  datatype LiveKitError = RoomNotFound | MetadataConflict(existing: string, attempted: string) | ConnectionFailed

  datatype Delivery = Delivered | RequestLost | ResponseLost

  type Rooms = map<string, string>
  type Outcome = Result<(), LiveKitError>

  // ---- What the server does with a request ----

  function ListEffect(rooms: Rooms, name: string, d: Delivery): Result<Option<string>, LiveKitError> {
    if !d.Delivered? then Err(ConnectionFailed)
    else Ok(if name in rooms then Some(rooms[name]) else None)
  }

  function UpdateEffect(rooms: Rooms, name: string, metadata: string, d: Delivery): (Rooms, Outcome) {
    if d.RequestLost? || name !in rooms then (rooms, Err(ConnectionFailed))
    else (rooms[name := metadata], if d.Delivered? then Ok(()) else Err(ConnectionFailed))
  }

  /** Creating a room that exists leaves it as it is. */
  function CreateEffect(rooms: Rooms, name: string, d: Delivery): (Rooms, Outcome) {
    if d.RequestLost? then (rooms, Err(ConnectionFailed))
    else (if name in rooms then rooms else rooms[name := ""], if d.Delivered? then Ok(()) else Err(ConnectionFailed))
  }

  class RoomServer {
    var rooms: Rooms

    constructor ()
      ensures rooms == map[]
    {
      rooms := map[];
    }

    method ListRoom(name: string, d: Delivery) returns (r: Result<Option<string>, LiveKitError>)
      ensures r == ListEffect(rooms, name, d)
    {
      r := ListEffect(rooms, name, d);
    }

    method UpdateRoomMetadata(name: string, metadata: string, d: Delivery) returns (r: Outcome)
      modifies this
      ensures (rooms, r) == UpdateEffect(old(rooms), name, metadata, d)
    {
      var (rooms', r') := UpdateEffect(rooms, name, metadata, d);
      rooms, r := rooms', r';
    }

    method CreateRoom(name: string, d: Delivery) returns (r: Outcome)
      modifies this
      ensures (rooms, r) == CreateEffect(old(rooms), name, d)
    {
      var (rooms', r') := CreateEffect(rooms, name, d);
      rooms, r := rooms', r';
    }

    /** Other processes create rooms; existing rooms stay. */
    method OthersCreate(created: Rooms)
      modifies this
      ensures rooms == created + old(rooms)
    {
      rooms := created + rooms;
    }
  }

  // ---- What must survive a write to a room's metadata ----

  /**
    Metadata that names a tenant, and metadata that cannot be read, is never touched; other metadata may be claimed
    once, which reads and prints every other field once more.
   */
  ghost predicate Survives(num: NumberReader, before: string, after: string) {
    || before == after
    || (&& !Unreadable(num, before) && !Unreadable(num, after)
        && TenantOf(num, before).None? && TenantOf(num, after).Some?
        && (forall k :: k != AUTH_ID_KEY ==> MetadataField(num, after, k) == RenumField(num, MetadataField(num, before, k))))
  }

  lemma SurvivesTransitive(num: NumberReader, a: string, b: string, c: string)
    requires Survives(num, a, b) && Survives(num, b, c)
    ensures Survives(num, a, c)
  {
  }

  /** The tenant survives always; another field does exactly when nothing was written or its numbers are fixed points. */
  lemma SurvivingFields(num: NumberReader, before: string, after: string, k: string)
    requires PrintsReadable(num) && Survives(num, before, after) && k != AUTH_ID_KEY
    ensures TenantOf(num, before).Some? || Unreadable(num, before) ==> after == before
    ensures MetadataField(num, after, k) == MetadataField(num, before, k)
      <==> before == after || FixedField(num, MetadataField(num, before, k))
  {
    FieldSurvivesIff(num, before, k);
  }

  lemma MergeSurvives(num: NumberReader, raw: string, authId: string)
    requires PrintsReadable(num) && TenantOf(num, raw).None? && MergeAuthId(num, raw, authId).Ok?
    ensures Survives(num, raw, MergeAuthId(num, raw, authId).value)
  {
    MergeAuthIdSpec(num, raw, authId);
  }

  ghost predicate AllSurvive(num: NumberReader, before: Rooms, after: Rooms) {
    forall r :: r in before ==> r in after && Survives(num, before[r], after[r])
  }

  lemma AllSurviveTransitive(num: NumberReader, a: Rooms, b: Rooms, c: Rooms)
    requires AllSurvive(num, a, b) && AllSurvive(num, b, c)
    ensures AllSurvive(num, a, c)
  {
    forall r | r in a ensures r in c && Survives(num, a[r], c[r]) {
      SurvivesTransitive(num, a[r], b[r], c[r]);
    }
  }

  function MergeError(e: MetadataError): LiveKitError {
    match e
    case AuthIdConflict(existing, attempted) => MetadataConflict(existing, attempted)
    case _ => ConnectionFailed
  }

  // ---- The handler ----

  /** One undivided call of `ensure_room_auth_id`. */
  function EnsureEffect(num: NumberReader, rooms: Rooms, name: string, authId: string, list: Delivery, update: Delivery): (Rooms, Outcome) {
    if !list.Delivered? then (rooms, Err(ConnectionFailed))
    else if name !in rooms then (rooms, Err(RoomNotFound))
    else if GetAuthId(num, rooms[name]) == Some(authId) then (rooms, Ok(()))
    else match MergeAuthId(num, rooms[name], authId)
      case Err(e) => (rooms, Err(MergeError(e)))
      case Ok(metadata) => UpdateEffect(rooms, name, metadata, update)
  }

  method EnsureRoomAuthId(num: NumberReader, server: RoomServer, name: string, authId: string, list: Delivery, update: Delivery)
    returns (r: Outcome)
    modifies server
    ensures (server.rooms, r) == EnsureEffect(num, old(server.rooms), name, authId, list, update)
  {
    var listed := server.ListRoom(name, list);
    if listed.Err? { return Err(listed.error); }
    if listed.value.None? { return Err(RoomNotFound); }
    var current := listed.value.value;
    if GetAuthId(num, current) == Some(authId) { return Ok(()); }
    var merged := MergeAuthId(num, current, authId);
    if merged.Err? { return Err(MergeError(merged.error)); }
    r := server.UpdateRoomMetadata(name, merged.value, update);
  }

  /**
    An undivided call never disturbs a room, reports success only if the room then carries the caller's id, and
    refuses a room of another tenant, and one whose metadata cannot be read, without writing.
   */
  lemma EnsureEffectSpec(num: NumberReader, rooms: Rooms, name: string, authId: string, list: Delivery, update: Delivery)
    requires PrintsReadable(num)
    ensures var (rooms', r) := EnsureEffect(num, rooms, name, authId, list, update);
      && AllSurvive(num, rooms, rooms') && rooms'.Keys == rooms.Keys
      && (forall other :: other in rooms && other != name ==> rooms'[other] == rooms[other])
      && (r.Ok? ==> name in rooms' && TenantOf(num, rooms'[name]) == Some(authId))
      && (r == Err(RoomNotFound) <==> list.Delivered? && name !in rooms)
      && (r.Err? && !r.error.ConnectionFailed? ==> rooms' == rooms)
    ensures forall e, a :: (EnsureEffect(num, rooms, name, authId, list, update).1 == Err(MetadataConflict(e, a))
      <==> list.Delivered? && name in rooms && TenantOf(num, rooms[name]) == Some(e) && e != authId && a == authId)
    ensures list.Delivered? && update.Delivered? && name in rooms && MayClaim(num, rooms[name], authId)
      ==> EnsureEffect(num, rooms, name, authId, list, update).1.Ok?
    ensures list.Delivered? && name in rooms && Unreadable(num, rooms[name])
      ==> EnsureEffect(num, rooms, name, authId, list, update) == (rooms, Err(ConnectionFailed))
  {
    if name in rooms {
      HelpersRead(num, rooms[name]);
      MergeAuthIdSpec(num, rooms[name], authId);
      var merged := MergeAuthId(num, rooms[name], authId);
      if merged.Ok? && TenantOf(num, rooms[name]).None? { MergeSurvives(num, rooms[name], authId); }
    }
  }

  /** Blank or a JSON object, and no other tenant's. */
  ghost predicate MayClaim(num: NumberReader, metadata: string, authId: string) {
    !Unreadable(num, metadata) && (TenantOf(num, metadata).None? || TenantOf(num, metadata) == Some(authId))
  }

  /** Everything that happens around one call of `ensure_room_with_auth_id`. */
  datatype Environment = Environment(
    list1: Delivery, update1: Delivery, others1: Rooms, create: Delivery, others2: Rooms, list2: Delivery, update2: Delivery)

  /** The server as the second attempt finds it. */
  function BeforeRetry(rooms: Rooms, name: string, env: Environment): Rooms {
    env.others2 + CreateEffect(env.others1 + rooms, name, env.create).0
  }

  function EnsureWithEffect(num: NumberReader, rooms: Rooms, name: string, authId: string, env: Environment): (Rooms, Outcome) {
    var (rooms1, r1) := EnsureEffect(num, rooms, name, authId, env.list1, env.update1);
    if r1 == Err(RoomNotFound) then
      EnsureEffect(num, BeforeRetry(rooms1, name, env), name, authId, env.list2, env.update2)
    else (rooms1, r1)
  }

  method EnsureRoomWithAuthId(num: NumberReader, server: RoomServer, name: string, authId: string, env: Environment)
    returns (r: Outcome)
    modifies server
    ensures (server.rooms, r) == EnsureWithEffect(num, old(server.rooms), name, authId, env)
  {
    r := EnsureRoomAuthId(num, server, name, authId, env.list1, env.update1);
    if r.Ok? || r.error != RoomNotFound { return; }
    server.OthersCreate(env.others1);
    // Whether or not the creation succeeds, look again.
    var created := server.CreateRoom(name, env.create);
    server.OthersCreate(env.others2);
    r := EnsureRoomAuthId(num, server, name, authId, env.list2, env.update2);
  }

  /** The create-if-missing call with its retry keeps all of this, whoever wins the race to create the room. */
  lemma EnsureWithEffectSpec(num: NumberReader, rooms: Rooms, name: string, authId: string, env: Environment)
    requires PrintsReadable(num)
    ensures var (rooms', r) := EnsureWithEffect(num, rooms, name, authId, env);
      && AllSurvive(num, rooms, rooms')
      && (r.Ok? ==> name in rooms' && TenantOf(num, rooms'[name]) == Some(authId))
    ensures forall e :: (name in rooms && env.list1.Delivered? && TenantOf(num, rooms[name]) == Some(e) && e != authId
      ==> EnsureWithEffect(num, rooms, name, authId, env) == (rooms, Err(MetadataConflict(e, authId))))
    ensures name in rooms && env.list1.Delivered? && Unreadable(num, rooms[name])
      ==> EnsureWithEffect(num, rooms, name, authId, env) == (rooms, Err(ConnectionFailed))
    ensures name in rooms && env.list1.Delivered? && env.update1.Delivered? && MayClaim(num, rooms[name], authId)
      ==> EnsureWithEffect(num, rooms, name, authId, env).1.Ok?
  {
    EnsureEffectSpec(num, rooms, name, authId, env.list1, env.update1);
    var (rooms1, r1) := EnsureEffect(num, rooms, name, authId, env.list1, env.update1);
    if r1 == Err(RoomNotFound) {
      var middle := BeforeRetry(rooms1, name, env);
      EnsureEffectSpec(num, middle, name, authId, env.list2, env.update2);
      AllSurviveTransitive(num, rooms, middle, EnsureWithEffect(num, rooms, name, authId, env).0);
    }
  }

  /** When the room is missing, the outcome is decided by what the retry finds: our creation or the winner's. */
  lemma RetryOutcome(num: NumberReader, rooms: Rooms, name: string, authId: string, env: Environment)
    requires PrintsReadable(num)
    requires name !in rooms && env.list1.Delivered? && env.list2.Delivered? && env.update2.Delivered?
    ensures var r := EnsureWithEffect(num, rooms, name, authId, env).1;
      var found := BeforeRetry(rooms, name, env);
      && (name in found <==> name in env.others1 || !env.create.RequestLost? || name in env.others2)
      && (r.Ok? <==> name in found && MayClaim(num, found[name], authId))
      && (r == Err(RoomNotFound) <==> name !in found)
      && (name in found && Unreadable(num, found[name]) ==> r == Err(ConnectionFailed))
  {
    EmptyMetadata(num);
    var found := BeforeRetry(rooms, name, env);
    EnsureEffectSpec(num, found, name, authId, env.list2, env.update2);
    if name in found { MergeAuthIdSpec(num, found[name], authId); }
  }

  lemma EmptyMetadata(num: NumberReader)
    ensures ParseMetadata(num, "") == Ok([]) && !Unreadable(num, "") && TenantOf(num, "").None?
  {
    HelpersRead(num, "");
  }

  /** Makes sure the room is there and leaves all metadata alone. */
  method EnsureRoomExists(server: RoomServer, name: string, list1: Delivery, create: Delivery, others: Rooms, list2: Delivery)
    returns (r: Outcome)
    modifies server
    ensures forall k :: k in old(server.rooms) ==> k in server.rooms && server.rooms[k] == old(server.rooms)[k]
    ensures r.Ok? ==> name in server.rooms
    ensures forall k :: k in server.rooms && k !in old(server.rooms) && k != name ==> k in others
    ensures r.Err? ==> !list1.Delivered? || (!create.Delivered? && (name !in server.rooms || !list2.Delivered?))
  {
    var listed := server.ListRoom(name, list1);
    if listed.Err? { return Err(listed.error); }
    if listed.value.Some? { return Ok(()); }
    r := server.CreateRoom(name, create);
    if r.Ok? { return; }
    server.OthersCreate(others);
    listed := server.ListRoom(name, list2);
    if listed.Err? { return Err(listed.error); }
    if listed.value.Some? { r := Ok(()); }
  }
}
