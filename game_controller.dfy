/** GameController: the lobby page and the in-memory room registry. */
module Game {
  import opened Web
  import opened JavaText

  const LobbyView := "game/lobby"
  const NotFoundMessage := "指定されたルームが見つかりません"
  const SelfJoinMessage := "自分が作成したルームには参加できません"

  /** The body of a join-room response. */
  datatype JoinResponse =
    | Rejected(message: string)                  // {"success": false, "message": …}
    | Joined(roomId: string, hostUserId: string) // {"success": true, "roomId": …, "hostUserId": …}
    | NullPointerFailure                         // the stored host was null: `hostUserId.equals` throws

  /** generateRoomId: `100000 + nextInt(900000)` printed in decimal; the draw
      is an arbitrary value in [0, 900000). */
  method GenerateRoomId() returns (roomId: string)
    ensures IsRoomCode(roomId)
    ensures 100000 <= ParseDecimal(roomId) <= 999999
  {
    var draw: int :| 0 <= draw < 900000;
    var number := 100000 + draw;
    RoomCodeOfNumber(number);
    roomId := DecimalString(number);
  }

  class GameController {
    /** activeRooms: room code to the host's session `userId`, which may be null. */
    var activeRooms: map<string, Option<string>>

    constructor ()
      ensures activeRooms == map[]
    {
      activeRooms := map[];
    }

    /** lobby: only a session carrying a `userId` sees the lobby, and that
        `userId` is handed to the view. */
    function Lobby(session: Session): (v: View)
      reads session
      ensures v.name == LobbyView <==> session.userId.Some?
      ensures session.userId.None? ==> v == View(RedirectToLogin, map[])
      ensures session.userId.Some? ==> v.model == map["userId" := session.userId.value]
    {
      match session.userId
      case None => View(RedirectToLogin, map[])
      case Some(userId) => View(LobbyView, map["userId" := userId])
    }

    /** createRoom: stores the session's `userId` (null when not logged in)
        under a fresh draw, overwriting any room with that code, and answers
        with that code alone. */
    method CreateRoom(session: Session) returns (response: map<string, string>)
      modifies this
      ensures response.Keys == {"roomId"} && IsRoomCode(response["roomId"])
      ensures activeRooms == old(activeRooms)[response["roomId"] := session.userId]
    {
      var userId := session.userId;
      var roomId := GenerateRoomId();
      activeRooms := activeRooms[roomId := userId];
      response := map["roomId" := roomId];
    }

    /** joinRoom: a read-only three-way decision (not found, own room, joined);
        it records no guest, so a room never fills. */
    function JoinRoom(roomId: string, session: Session): (r: JoinResponse)
      reads this, session
      ensures r == Rejected(NotFoundMessage) <==> roomId !in activeRooms
      ensures r == Rejected(SelfJoinMessage) <==>
        roomId in activeRooms && activeRooms[roomId].Some? && activeRooms[roomId] == session.userId
      ensures r == NullPointerFailure <==> roomId in activeRooms && activeRooms[roomId].None?
      ensures r.Joined? <==>
        roomId in activeRooms && activeRooms[roomId].Some? && activeRooms[roomId] != session.userId
      ensures r.Joined? ==> r == Joined(roomId, activeRooms[roomId].value)
    {
      if roomId !in activeRooms then
        Rejected(NotFoundMessage)
      else
        match activeRooms[roomId]
        case None => NullPointerFailure
        case Some(hostUserId) =>
          if Some(hostUserId) == session.userId then Rejected(SelfJoinMessage)
          else Joined(roomId, hostUserId)
    }
  }

  /** Because joining changes nothing, any number of distinct guests can join
      the same room, each seeing the same host. */
  lemma EveryOtherGuestJoins(g: GameController, roomId: string, first: Session, second: Session)
    requires g.JoinRoom(roomId, first).Joined?
    requires second.userId != g.activeRooms[roomId]
    ensures g.JoinRoom(roomId, second) == g.JoinRoom(roomId, first)
  {
  }
}
